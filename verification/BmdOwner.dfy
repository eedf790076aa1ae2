/** Bucket metadata as code, and the primary's part of creating a bucket (ais/bucketmeta.go,
    ais/prxtxn.go). */
module BmdOwners {
  import opened Bmds

  class BucketMD {
    var buckets: map<Bck, Props>
    var version: nat

    function View(): Bmd
      reads this
    {
      Bmd(buckets, version)
    }

    constructor (m: Bmd)
      ensures View() == m
    {
      buckets, version := m.buckets, m.version;
    }

    method Add(b: Bck, p: Props) returns (added: bool)
      modifies this
      ensures added == (b !in old(buckets)) && (added <==> CanApply(old(View()), Op.Add(b, p)))
      ensures View() == if added then Apply(old(View()), Op.Add(b, p)) else old(View())
    {
      added := b !in buckets;
      if added {
        buckets := buckets[b := p.(bid := MaskBID(b, version))];
        version := version + 1;
      }
    }

    method Del(b: Bck) returns (deleted: bool)
      modifies this
      ensures deleted == (b in old(buckets)) && (deleted <==> CanApply(old(View()), Op.Del(b)))
      ensures View() == if deleted then Apply(old(View()), Op.Del(b)) else old(View())
    {
      deleted := b in buckets;
      if deleted {
        buckets := buckets - {b};
        version := version + 1;
      }
    }

    method Set(b: Bck, p: Props) returns (ok: bool)
      modifies this
      ensures ok == (b in old(buckets)) && (ok <==> CanApply(old(View()), Op.Set(b, p)))
      ensures View() == if ok then Apply(old(View()), Op.Set(b, p)) else old(View())
    {
      ok := b in buckets;
      if ok {
        buckets := buckets[b := p.(bid := buckets[b].bid)];
        version := version + 1;
      }
    }

    method Rename(from: Bck, to: Bck) returns (ok: bool)
      modifies this
      ensures ok == (from in old(buckets) && to !in old(buckets)) && (ok <==> CanApply(old(View()), Op.Rename(from, to)))
      ensures ok ==> View() == Apply(old(View()), Op.Rename(from, to))
    {
      ok := from in buckets;
      if !ok {
        return;
      }
      var props := buckets[from];
      ok := Add(to, props);
      if ok {
        ok := Set(from, props.(renamed := true));
      }
    }
  }

  class BmdOwner {
    var bmd: Bmd  // published

    constructor (m: Bmd)
      ensures bmd == m
    {
      bmd := m;
    }

    /** A change goes through if and only if it applies and the clone can be persisted; otherwise
        the published metadata stays. */
    method Modify(op: Op, persists: bool) returns (ok: bool)
      modifies this
      ensures ok == (CanApply(old(bmd), op) && persists)
      ensures bmd == if ok then Apply(old(bmd), op) else old(bmd)
    {
      var clone := new BucketMD(bmd);
      match op {
        case Add(b, p) => ok := clone.Add(b, p);
        case Del(b) => ok := clone.Del(b);
        case Set(b, p) => ok := clone.Set(b, p);
        case Rename(b, to) => ok := clone.Rename(b, to);
      }
      ok := ok && persists;
      if ok {
        bmd := clone.View();
      }
    }

    /** Changes of other buckets, made meanwhile by whoever holds their name locks. */
    method Others(ops: seq<Op>, b: Bck)
      requires forall op :: op in ops ==> Foreign(op, b)
      modifies this
      ensures bmd == ApplyAll(old(bmd), ops) && SameBucket(old(bmd), bmd, b)
    {
      for i := 0 to |ops|
        invariant bmd == ApplyAll(old(bmd), ops[..i]) && SameBucket(old(bmd), bmd, b)
      {
        assert ops[..i + 1][..i] == ops[..i] && ops[i] in ops;
        var _ := Modify(ops[i], true);
      }
      assert ops[..|ops|] == ops;
    }

    /** Creating a bucket under its name lock. `stale` was read before the lock was taken; `begun`
        and `committed` tell whether all targets agreed; `early` and `late` are changes of other
        buckets before and after the local update. */
    method CreateBucket(b: Bck, p: Props, stale: Bmd, begun: bool, committed: bool,
                        persists: bool, undoPersists: bool, early: seq<Op>, late: seq<Op>) returns (r: Outcome)
      requires forall op :: op in early + late ==> Foreign(op, b)
      modifies this
      ensures r.Nil? <==> b !in stale.buckets && b !in old(bmd).buckets && begun && persists && committed
      ensures r.Crash? <==> b !in stale.buckets && b !in old(bmd).buckets && begun && persists && !committed && !undoPersists
      ensures r.Nil? || r.Crash? ==>
                && Beside(bmd, ApplyAll(ApplyAll(old(bmd), early), late), b)
                && bmd.buckets[b] == p.(bid := MaskBID(b, ApplyAll(old(bmd), early).version))
      ensures r.Err? && r.undone ==>
                && SameApartFromIds(bmd, ApplyAll(ApplyAll(old(bmd), early), late))
                && bmd.version == ApplyAll(ApplyAll(old(bmd), early), late).version + 2
                && (late == [] ==> bmd.buckets == ApplyAll(old(bmd), early).buckets)
      ensures r.Err? && r.undone <==> b !in stale.buckets && b !in old(bmd).buckets && begun && persists && !committed && undoPersists
      ensures r.Err? && !r.undone ==> bmd == if b in stale.buckets || !begun then old(bmd) else ApplyAll(old(bmd), early)
    {
      if b in stale.buckets {
        return Err(false);
      }
      if !begun {
        return Err(false);
      }
      assert forall op :: op in early ==> op in early + late;
      assert forall op :: op in late ==> op in early + late;
      Others(early, b);
      ghost var before := bmd;
      var ok := Modify(Op.Add(b, p), persists);
      if !ok {
        return Err(false);
      }
      Others(late, b);
      BesideOthers(before, b, p, late);
      if committed {
        return Nil;
      }
      UndoIsInvisible(before, b, p, late);
      ok := Modify(Op.Del(b), undoPersists);
      if !ok {
        return Crash;
      }
      return Err(true);
    }
  }

  /** `undone`: the bucket was there for a while. */
  datatype Outcome = Nil | Crash | Err(undone: bool)

  /** An operation on other buckets. */
  predicate Foreign(op: Op, b: Bck) {
    op.b != b && (op.Rename? ==> op.to != b)
  }

  /** Operations that do not apply have no effect. */
  function ApplyAll(m: Bmd, ops: seq<Op>): Bmd {
    if ops == [] then m
    else
      var n, op := ApplyAll(m, ops[..|ops| - 1]), ops[|ops| - 1];
      if CanApply(n, op) then Apply(n, op) else n
  }

  ghost predicate SameBucket(m: Bmd, n: Bmd, b: Bck) {
    (b in m.buckets <==> b in n.buckets) && (b in m.buckets ==> m.buckets[b] == n.buckets[b])
  }

  // ---------------------------------------------------------------- atomicity

  /** The same buckets and properties; IDs given meanwhile may differ. */
  ghost predicate SameApartFromIds(m: Bmd, n: Bmd) {
    m.buckets.Keys == n.buckets.Keys && forall b :: b in m.buckets ==> m.buckets[b].(bid := 0) == n.buckets[b].(bid := 0)
  }

  /** `m` is `n` with exactly one bucket and one version more. */
  ghost predicate Beside(m: Bmd, n: Bmd, b: Bck) {
    && b in m.buckets && b !in n.buckets && m.version == n.version + 1
    && SameApartFromIds(Bmd(m.buckets - {b}, 0), n)
  }

  lemma BesideStep(m: Bmd, n: Bmd, b: Bck, op: Op)
    requires Beside(m, n, b) && Foreign(op, b)
    ensures CanApply(m, op) <==> CanApply(n, op)
    ensures CanApply(m, op) ==> Beside(Apply(m, op), Apply(n, op), b)
  {
    assert forall c :: c != b ==> (c in m.buckets <==> c in n.buckets);
    assert forall c :: c in n.buckets ==> (m.buckets - {b})[c].(bid := 0) == n.buckets[c].(bid := 0);
  }

  /** What others do goes on as if the new bucket were not there. */
  lemma {:induction false} BesideOthers(m: Bmd, b: Bck, p: Props, late: seq<Op>)
    requires b !in m.buckets && forall op :: op in late ==> Foreign(op, b)
    ensures Beside(ApplyAll(Added(m, b, p), late), ApplyAll(m, late), b)
  {
    if late == [] {
      assert Added(m, b, p).buckets - {b} == m.buckets;
    } else {
      var k := |late| - 1;
      assert late[k] in late;
      BesideOthers(m, b, p, late[..k]);
      BesideStep(ApplyAll(Added(m, b, p), late[..k]), ApplyAll(m, late[..k]), b, late[k]);
    }
  }

  /** Undoing the creation leaves nothing behind but two versions. */
  lemma UndoIsInvisible(m: Bmd, b: Bck, p: Props, late: seq<Op>)
    requires b !in m.buckets && forall op :: op in late ==> Foreign(op, b)
    ensures var x, y := Deleted(ApplyAll(Added(m, b, p), late), b), ApplyAll(m, late);
            SameApartFromIds(x, y) && x.version == y.version + 2 && (late == [] ==> x.buckets == m.buckets)
  {
    BesideOthers(m, b, p, late);
    if late == [] {
      assert Deleted(Added(m, b, p), b).buckets == m.buckets;
    }
  }
}
