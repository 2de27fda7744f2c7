/** A directory with private quarantine slots, its atomic namespace steps, and
    a process that dies when its power is gone. The slot operations follow
    internal/fsatomic: a quarantine is made and then filled, a removal deletes
    the object and then retires the slot, a restore moves the object back and
    then retires the slot; a crash can fall between the two. */
module AtomicFiles {
  import opened Basics

  datatype Status = Done | Failed | Crashed

  /** A private directory that records the public name of what it holds. */
  datatype Slot<K, N, F> = Slot(kind: K, source: N, held: Option<F>)

  datatype Directory<K, !N, F> = Dir(files: map<N, F>, slots: map<nat, Slot<K, N, F>>)

  function At<N, F>(f: map<N, F>, x: N): (r: Option<F>) {
    if x in f then Some(f[x]) else None
  }

  // ------------------------------------------------------- atomic steps

  function Put<K, N, F>(d: Directory<K, N, F>, x: N, file: F): Directory<K, N, F> {
    d.(files := d.files[x := file])
  }

  function Moved<N, F>(f: map<N, F>, a: N, b: N): map<N, F>
    requires a in f
  {
    (f - {a})[b := f[a]]
  }

  function Renamed<K, N, F>(d: Directory<K, N, F>, a: N, b: N): Directory<K, N, F>
    requires a in d.files
  {
    d.(files := Moved(d.files, a, b))
  }

  function SlotMade<K, N, F>(d: Directory<K, N, F>, k: nat, kind: K, source: N): Directory<K, N, F> {
    d.(slots := d.slots[k := Slot(kind, source, None)])
  }

  function SlotFilled<K, N, F>(d: Directory<K, N, F>, k: nat): Directory<K, N, F>
    requires k in d.slots && d.slots[k].source in d.files
  {
    var s := d.slots[k];
    Dir(d.files - {s.source}, d.slots[k := s.(held := Some(d.files[s.source]))])
  }

  function SlotErased<K, N, F>(d: Directory<K, N, F>, k: nat): Directory<K, N, F>
    requires k in d.slots
  {
    d.(slots := d.slots[k := d.slots[k].(held := None)])
  }

  function SlotRestored<K, N, F>(d: Directory<K, N, F>, k: nat): Directory<K, N, F>
    requires k in d.slots && d.slots[k].held.Some?
  {
    var s := d.slots[k];
    Dir(d.files[s.source := s.held.value], d.slots[k := s.(held := None)])
  }

  function SlotDropped<K, N, F>(d: Directory<K, N, F>, k: nat): Directory<K, N, F> {
    d.(slots := d.slots - {k})
  }

  /** The directories a removal of x through slot k can leave when it dies. */
  ghost predicate DiscardingAt<K, N, F>(d0: Directory<K, N, F>, d: Directory<K, N, F>, kind: K, x: N, k: nat)
    requires x in d0.files
  {
    var empty := Slot(kind, x, None);
    || d == Dir(d0.files, d0.slots[k := empty])
    || d == Dir(d0.files - {x}, d0.slots[k := empty.(held := Some(d0.files[x]))])
    || d == Dir(d0.files - {x}, d0.slots[k := empty])
  }

  ghost predicate Discarding<K, N, F>(d0: Directory<K, N, F>, d: Directory<K, N, F>, kind: K, x: N)
    requires x in d0.files
  {
    d == d0 || exists k :: k !in d0.slots && DiscardingAt(d0, d, kind, x, k)
  }

  // ----------------------------------------------------------- counting

  lemma MoveCount<N, F>(m: map<N, F>, a: N, b: N)
    requires a in m && b !in m
    ensures |Moved(m, a, b)| == |m|
  {
    RemoveCount(m, a);
    PutCount(m - {a}, b, m[a]);
  }

  /** Entries of the directory: files and slots. */
  function Weight<K, N, F>(d: Directory<K, N, F>): nat {
    |d.files| + |d.slots|
  }

  /** No entry more than before, or one if the process died. */
  predicate Lean<K, N, F>(d0: Directory<K, N, F>, d: Directory<K, N, F>, r: Status) {
    Weight(d) <= Weight(d0) + if r.Crashed? then 1 else 0
  }

  lemma SlotMadeWeight<K, N, F>(d: Directory<K, N, F>, k: nat, kind: K, source: N)
    requires k !in d.slots
    ensures Weight(SlotMade(d, k, kind, source)) == Weight(d) + 1 && |SlotMade(d, k, kind, source).slots| == |d.slots| + 1
    ensures source in d.files ==> Weight(SlotFilled(SlotMade(d, k, kind, source), k)) == Weight(d)
    ensures source in d.files ==> |SlotFilled(SlotMade(d, k, kind, source), k).slots| == |d.slots| + 1
    ensures SlotDropped(SlotMade(d, k, kind, source), k) == d
  {
    if source in d.files { RemoveCount(d.files, source); }
    assert (d.slots[k := Slot(kind, source, None)]) - {k} == d.slots;
  }

  // --------------------------------------------------------- freshness

  lemma {:induction false} FreshKeyExists(s: set<nat>)
    ensures exists n: nat :: n !in s
  {
    var n := UpperBound(s);
    assert n !in s;
  }

  lemma {:induction false} UpperBound(s: set<nat>) returns (n: nat)
    ensures forall k :: k in s ==> k < n
  {
    n := 0;
    var todo := s;
    while todo != {}
      invariant todo <= s
      invariant forall k :: k in s && k !in todo ==> k < n
    {
      var k :| k in todo;
      n := if k < n then n else k + 1;
      todo := todo - {k};
    }
  }

  // -------------------------------------------------------- the volume

  class Volume<K, N(==), F> {
    var dir: Directory<K, N, F>
    /** Namespace steps left before the process dies. */
    var power: nat

    constructor (dir: Directory<K, N, F>, power: nat)
      ensures this.dir == dir && this.power == power
    {
      this.dir, this.power := dir, power;
    }

    method Tick() returns (r: Status)
      modifies this`power
      ensures !r.Failed?
      ensures r.Done? ==> old(power) > 0 && power == old(power) - 1
      ensures r.Crashed? ==> old(power) == 0 && power == 0
    {
      if power == 0 { return Crashed; }
      power := power - 1;
      r := Done;
    }

    /** Create a file exclusively, then write and sync it. A crash during the
        write leaves `torn`, whatever had reached the disk. */
    method CreateFile(x: N, file: F, torn: F) returns (r: Status)
      modifies this
      ensures r.Failed? <==> x in old(dir).files
      ensures r.Failed? ==> dir == old(dir)
      ensures r.Done? ==> dir == Put(old(dir), x, file)
      ensures r.Crashed? ==> power == 0 && (dir == old(dir) || dir == Put(old(dir), x, torn))
      ensures r.Done? ==> old(power) == power + 2
      ensures r.Crashed? ==> old(power) < 2
    {
      if x in dir.files { return Failed; }
      r := Tick();
      if !r.Done? { return; }
      r := Tick();
      dir := Put(dir, x, if r.Done? then file else torn);
    }

    /** Hard-link a file under a second name. */
    method Link(a: N, b: N) returns (r: Status)
      modifies this
      ensures r.Failed? <==> a !in old(dir).files || b in old(dir).files
      ensures !r.Done? ==> dir == old(dir)
      ensures r.Done? ==> dir == Put(old(dir), b, old(dir).files[a])
      ensures r.Crashed? ==> power == 0
      ensures r.Done? ==> old(power) == power + 1
      ensures r.Crashed? ==> old(power) < 1
    {
      if a !in dir.files || b in dir.files { return Failed; }
      r := Tick();
      if r.Done? { dir := Put(dir, b, dir.files[a]); }
    }

    method RenameNoReplace(a: N, b: N) returns (r: Status)
      modifies this
      ensures r.Failed? <==> a !in old(dir).files || b in old(dir).files
      ensures !r.Done? ==> dir == old(dir)
      ensures r.Done? ==> dir == Renamed(old(dir), a, b)
      ensures r.Crashed? ==> power == 0
      ensures r.Done? ==> old(power) == power + 1
      ensures r.Crashed? ==> old(power) < 1
      ensures Lean(old(dir), dir, r)
    {
      if a !in dir.files || b in dir.files { return Failed; }
      r := Tick();
      if r.Done? { dir := Renamed(dir, a, b); }
    }

    /** Quarantine: make the slot, then move the source into it. `fits` says
        that the slot's directory name stays within the portable limit. */
    method Quarantine(source: N, kind: K, fits: bool) returns (r: Status, k: nat)
      modifies this
      ensures r.Failed? <==> !fits || (source !in old(dir).files && !r.Crashed?)
      ensures r.Failed? ==> dir == old(dir)
      ensures r.Done? ==> source in old(dir).files && k !in old(dir).slots
                          && dir == SlotFilled(SlotMade(old(dir), k, kind, source), k)
      ensures r.Crashed? ==> power == 0
      ensures r.Crashed? ==> dir == old(dir) || (k !in old(dir).slots && dir == SlotMade(old(dir), k, kind, source))
      ensures r.Done? ==> old(power) == power + 2
      ensures r.Crashed? ==> old(power) < 2
      ensures !fits ==> power == old(power)
      ensures |dir.slots| <= |old(dir).slots| + 1
      ensures Lean(old(dir), dir, r)
    {
      k := 0;
      if !fits { return Failed, 0; }
      FreshKeyExists(dir.slots.Keys);
      k :| k !in dir.slots.Keys;
      SlotMadeWeight(dir, k, kind, source);
      r := Tick();
      if !r.Done? { return; }
      dir := SlotMade(dir, k, kind, source);
      if source !in dir.files {
        r := DropSlot(k);
        if r.Done? { r := Failed; }
        return;
      }
      r := Tick();
      if r.Done? { dir := SlotFilled(dir, k); }
    }

    /** closeEmpty: retire a slot that holds nothing. */
    method DropSlot(k: nat) returns (r: Status)
      requires k in dir.slots && dir.slots[k].held.None?
      modifies this
      ensures !r.Failed?
      ensures r.Done? ==> dir == SlotDropped(old(dir), k)
      ensures r.Crashed? ==> power == 0 && dir == old(dir)
      ensures r.Done? ==> old(power) == power + 1
      ensures r.Crashed? ==> old(power) < 1
      ensures Lean(old(dir), dir, r)
    {
      r := Tick();
      if r.Done? { dir := SlotDropped(dir, k); }
    }

    /** Remove: delete the object, then retire the slot. */
    method RemoveQuarantined(k: nat) returns (r: Status)
      requires k in dir.slots && dir.slots[k].held.Some?
      modifies this
      ensures !r.Failed?
      ensures r.Done? ==> dir == SlotDropped(old(dir), k)
      ensures r.Crashed? ==> power == 0 && (dir == old(dir) || dir == SlotErased(old(dir), k))
      ensures r.Crashed? ==> |dir.slots| == |old(dir).slots|
      ensures r.Done? ==> old(power) == power + 2
      ensures r.Crashed? ==> old(power) < 2
      ensures Lean(old(dir), dir, r)
    {
      r := Tick();
      if !r.Done? { return; }
      dir := SlotErased(dir, k);
      r := DropSlot(k);
      assert SlotDropped(SlotErased(old(dir), k), k) == SlotDropped(old(dir), k);
    }

    /** Restore: move the object back, then retire the slot. */
    method RestoreQuarantined(k: nat) returns (r: Status)
      requires k in dir.slots && dir.slots[k].held.Some?
      modifies this
      ensures r.Failed? <==> old(dir).slots[k].source in old(dir).files
      ensures r.Failed? ==> dir == old(dir)
      ensures r.Done? ==> dir == SlotDropped(SlotRestored(old(dir), k), k)
      ensures r.Crashed? ==> power == 0 && (dir == old(dir) || dir == SlotRestored(old(dir), k))
      ensures r.Crashed? ==> |dir.slots| == |old(dir).slots|
      ensures r.Done? ==> old(power) == power + 2
      ensures r.Crashed? ==> old(power) < 2
      ensures Lean(old(dir), dir, r)
    {
      if dir.slots[k].source in dir.files { return Failed; }
      r := Tick();
      if !r.Done? { return; }
      dir := SlotRestored(dir, k);
      r := DropSlot(k);
    }

    /** Delete a file through a quarantine slot of its own. */
    method Discard(x: N, kind: K, fits: bool) returns (r: Status)
      requires x in dir.files
      modifies this
      ensures r.Failed? <==> !fits
      ensures r.Failed? ==> dir == old(dir)
      ensures r.Done? ==> dir == Dir(old(dir).files - {x}, old(dir).slots)
      ensures r.Crashed? ==> power == 0 && Discarding(old(dir), dir, kind, x)
      ensures r.Crashed? ==> |dir.slots| <= |old(dir).slots| + 1
      ensures r.Done? ==> old(power) == power + 4
      ensures r.Crashed? ==> old(power) < 4
      ensures Lean(old(dir), dir, r)
    {
      var k;
      r, k := Quarantine(x, kind, fits);
      if r.Crashed? {
        assert dir != old(dir) ==> DiscardingAt(old(dir), dir, kind, x, k);
      }
      if !r.Done? { return; }
      ghost var filled := dir;
      assert filled == Dir(old(dir).files - {x}, old(dir).slots[k := Slot(kind, x, Some(old(dir).files[x]))]);
      r := RemoveQuarantined(k);
      if r.Crashed? {
        assert DiscardingAt(old(dir), dir, kind, x, k) by {
          assert SlotErased(filled, k) == Dir(old(dir).files - {x}, old(dir).slots[k := Slot(kind, x, None)]);
        }
      } else {
        assert old(dir).slots[k := Slot(kind, x, Some(old(dir).files[x]))] - {k} == old(dir).slots;
      }
    }
  }
}
