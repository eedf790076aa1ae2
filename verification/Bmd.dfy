/** Bucket metadata: buckets, their IDs and versions (ais/bucketmeta.go). */
module Bmds {

  datatype Bck = Bck(ais: bool, name: string)

  /** `bid`: the ID of one incarnation of a bucket; `rest` stands for the other properties. */
  datatype Props = Props(bid: nat, renamed: bool, rest: string)

  datatype Bmd = Bmd(buckets: map<Bck, Props>, version: nat)

  /** The top bit of the 64 bits of a bucket ID. */
  const AIS_BID_MASK: nat := 0x8000_0000_0000_0000

  /** Versions are 63-bit; the top bit tells buckets of the cluster's own from others. */
  function MaskBID(bck: Bck, version: nat): nat {
    if bck.ais && version < AIS_BID_MASK then version + AIS_BID_MASK else version
  }

  lemma MaskIsInjective(b: Bck, v: nat, c: Bck, w: nat)
    requires v < AIS_BID_MASK && w < AIS_BID_MASK && MaskBID(b, v) == MaskBID(c, w)
    ensures v == w && b.ais == c.ais
  {
  }

  // ---------------------------------------------------------------- changes

  datatype Op = Add(b: Bck, p: Props) | Del(b: Bck) | Set(b: Bck, p: Props) | Rename(b: Bck, to: Bck)

  predicate CanApply(m: Bmd, op: Op) {
    match op
    case Add(b, _) => b !in m.buckets
    case Del(b) => b in m.buckets
    case Set(b, _) => b in m.buckets
    case Rename(b, to) => b in m.buckets && to !in m.buckets
  }

  function Added(m: Bmd, b: Bck, p: Props): Bmd {
    Bmd(m.buckets[b := p.(bid := MaskBID(b, m.version))], m.version + 1)
  }

  function Deleted(m: Bmd, b: Bck): Bmd {
    Bmd(m.buckets - {b}, m.version + 1)
  }

  function Updated(m: Bmd, b: Bck, p: Props): Bmd
    requires b in m.buckets
  {
    Bmd(m.buckets[b := p.(bid := m.buckets[b].bid)], m.version + 1)
  }

  /** Renaming adds the new bucket with the properties of the old one, and marks the old one. */
  function Apply(m: Bmd, op: Op): Bmd
    requires CanApply(m, op)
  {
    match op
    case Add(b, p) => Added(m, b, p)
    case Del(b) => Deleted(m, b)
    case Set(b, p) => Updated(m, b, p)
    case Rename(b, to) => Updated(Added(m, to, m.buckets[b]), b, m.buckets[b].(renamed := true))
  }

  /** All buckets but those named are as before. */
  ghost predicate OthersSame(m: Bmd, n: Bmd, but: set<Bck>) {
    forall c :: c !in but ==> (c in n.buckets <==> c in m.buckets) && (c in m.buckets ==> n.buckets[c] == m.buckets[c])
  }

  /** What a change does to the buckets: nothing to others; a bucket is created with the given properties
      and an ID of the old version, or deleted, or has the given properties and its old ID; a rename
      creates the new bucket with the properties of the old one, which is marked and otherwise stays. */
  lemma ApplyChanges(m: Bmd, op: Op)
    requires CanApply(m, op)
    ensures OthersSame(m, Apply(m, op), if op.Rename? then {op.b, op.to} else {op.b})
    ensures op.b in Apply(m, op).buckets <==> !op.Del?
    ensures op.Add? ==> Apply(m, op).buckets[op.b] == Props(MaskBID(op.b, m.version), op.p.renamed, op.p.rest)
    ensures op.Set? ==> Apply(m, op).buckets[op.b] == Props(m.buckets[op.b].bid, op.p.renamed, op.p.rest)
    ensures op.Rename? ==>
              && Apply(m, op).buckets[op.b] == Props(m.buckets[op.b].bid, true, m.buckets[op.b].rest)
              && op.to in Apply(m, op).buckets
              && Apply(m, op).buckets[op.to] == Props(MaskBID(op.to, m.version), m.buckets[op.b].renamed, m.buckets[op.b].rest)
    ensures Apply(m, op).version == m.version + if op.Rename? then 2 else 1
  {
  }

  // ---------------------------------------------------------------- bucket IDs

  /** Every ID is that of an earlier version, and no two buckets share one. */
  ghost predicate IdsOk(m: Bmd) {
    && (forall b :: b in m.buckets ==> Born(m, b, m.buckets[b].bid))
    && (forall b, c :: b in m.buckets && c in m.buckets && m.buckets[b].bid == m.buckets[c].bid ==> b == c)
  }

  /** `bid` was given to such a bucket, before. */
  ghost predicate Born(m: Bmd, b: Bck, bid: nat) {
    exists v: nat :: v < m.version && bid == MaskBID(b, v)
  }

  lemma BornEarlier(m: Bmd, b: Bck, bid: nat, c: Bck)
    requires Born(m, b, bid) && m.version < AIS_BID_MASK
    ensures bid != MaskBID(c, m.version)
  {
    var v: nat :| v < m.version && bid == MaskBID(b, v);
    if bid == MaskBID(c, m.version) {
      MaskIsInjective(b, v, c, m.version);
    }
  }

  lemma BornLater(m: Bmd, n: Bmd, b: Bck, bid: nat)
    requires Born(m, b, bid) && m.version <= n.version
    ensures Born(n, b, bid)
  {
    var v: nat :| v < m.version && bid == MaskBID(b, v);
  }

  lemma AddedIds(m: Bmd, b: Bck, p: Props)
    requires IdsOk(m) && b !in m.buckets && m.version < AIS_BID_MASK
    ensures IdsOk(Added(m, b, p))
  {
    var n := Added(m, b, p);
    forall c | c in n.buckets ensures Born(n, c, n.buckets[c].bid) && (c != b ==> n.buckets[c].bid != n.buckets[b].bid) {
      if c == b {
        assert n.buckets[c].bid == MaskBID(b, m.version);
      } else {
        BornEarlier(m, c, m.buckets[c].bid, b);
        BornLater(m, n, c, m.buckets[c].bid);
      }
    }
  }

  lemma FewerIds(m: Bmd, n: Bmd)
    requires IdsOk(m) && m.version <= n.version
    requires forall b :: b in n.buckets ==> b in m.buckets && n.buckets[b].bid == m.buckets[b].bid
    ensures IdsOk(n)
  {
    forall b | b in n.buckets ensures Born(n, b, n.buckets[b].bid) {
      BornLater(m, n, b, m.buckets[b].bid);
    }
  }

  lemma ApplyIds(m: Bmd, op: Op)
    requires IdsOk(m) && CanApply(m, op) && m.version < AIS_BID_MASK
    ensures IdsOk(Apply(m, op)) && Apply(m, op).version > m.version
  {
    match op
    case Add(b, p) => AddedIds(m, b, p);
    case Del(b) => FewerIds(m, Deleted(m, b));
    case Set(b, p) => FewerIds(m, Updated(m, b, p));
    case Rename(b, to) =>
      AddedIds(m, to, m.buckets[b]);
      FewerIds(Added(m, to, m.buckets[b]), Apply(m, op));
  }

  /** A bucket with an ID given before has had it before. */
  lemma OldId(m: Bmd, op: Op, b: Bck, bid: nat, c: Bck)
    requires CanApply(m, op) && m.version < AIS_BID_MASK && Born(m, b, bid)
    requires c in Apply(m, op).buckets && Apply(m, op).buckets[c].bid == bid
    ensures c in m.buckets && m.buckets[c].bid == bid
  {
    BornEarlier(m, b, bid, c);
  }

  ghost predicate IsRun(trace: seq<Bmd>, ops: seq<Op>) {
    && |trace| == |ops| + 1 && IdsOk(trace[0])
    && (forall i :: 0 <= i < |ops| ==> CanApply(trace[i], ops[i]) && trace[i + 1] == Apply(trace[i], ops[i]))
    && (forall i :: 0 <= i < |trace| ==> trace[i].version <= AIS_BID_MASK)
  }

  /** Versions strictly grow. */
  lemma {:induction false} RunVersions(trace: seq<Bmd>, ops: seq<Op>, i: nat, j: nat)
    requires IsRun(trace, ops) && i <= j < |trace|
    ensures trace[i].version + (j - i) <= trace[j].version && (i < j ==> trace[i].version < AIS_BID_MASK)
  {
    if i < j {
      RunVersions(trace, ops, i, j - 1);
    }
  }

  lemma {:induction false} RunIds(trace: seq<Bmd>, ops: seq<Op>, i: nat)
    requires IsRun(trace, ops) && i < |trace|
    ensures IdsOk(trace[i])
  {
    if i > 0 {
      RunIds(trace, ops, i - 1);
      RunVersions(trace, ops, i - 1, i);
      ApplyIds(trace[i - 1], ops[i - 1]);
    }
  }

  /** If two buckets, at whatever times of a run, have the same ID, they are one and the same bucket
      that existed all the time in between. So no two buckets that ever existed share an ID, a bucket
      that is deleted and created again gets a new one, and one that lives keeps its own. */
  lemma {:induction false} SameIdSameBucket(trace: seq<Bmd>, ops: seq<Op>, i: nat, j: nat, b: Bck, c: Bck)
    requires IsRun(trace, ops) && i <= j < |trace| && b in trace[i].buckets && c in trace[j].buckets
    requires trace[i].buckets[b].bid == trace[j].buckets[c].bid
    ensures b == c && forall k :: i <= k <= j ==> b in trace[k].buckets && trace[k].buckets[b].bid == trace[i].buckets[b].bid
  {
    if i == j {
      RunIds(trace, ops, i);
    } else {
      BornUntil(trace, ops, i, j - 1, b);
      OldId(trace[j - 1], ops[j - 1], b, trace[i].buckets[b].bid, c);
      SameIdSameBucket(trace, ops, i, j - 1, b, c);
    }
  }

  /** The change is one of the bucket. */
  predicate Touches(op: Op, b: Bck) {
    op.b == b || (op.Rename? && op.to == b)
  }

  /** In every run, a bucket stays exactly as the last change of it left it. */
  lemma {:induction false} LastChangeStays(trace: seq<Bmd>, ops: seq<Op>, i: nat, j: nat, b: Bck)
    requires IsRun(trace, ops) && i <= j < |trace| && forall k :: i <= k < j ==> !Touches(ops[k], b)
    ensures b in trace[j].buckets <==> b in trace[i].buckets
    ensures b in trace[i].buckets ==> trace[j].buckets[b] == trace[i].buckets[b]
  {
    if i < j {
      LastChangeStays(trace, ops, i, j - 1, b);
      ApplyChanges(trace[j - 1], ops[j - 1]);
    }
  }

  /** So the properties that were last set are the properties of the bucket, with the ID that it had. */
  lemma LastSetWins(trace: seq<Bmd>, ops: seq<Op>, i: nat, j: nat, b: Bck, p: Props)
    requires IsRun(trace, ops) && i < j < |trace| && ops[i] == Set(b, p) && forall k :: i < k < j ==> !Touches(ops[k], b)
    ensures b in trace[i].buckets && b in trace[j].buckets
    ensures trace[j].buckets[b] == Props(trace[i].buckets[b].bid, p.renamed, p.rest)
  {
    ApplyChanges(trace[i], ops[i]);
    LastChangeStays(trace, ops, i + 1, j, b);
  }

  lemma BornUntil(trace: seq<Bmd>, ops: seq<Op>, i: nat, j: nat, b: Bck)
    requires IsRun(trace, ops) && i <= j < |ops| && b in trace[i].buckets
    ensures Born(trace[j], b, trace[i].buckets[b].bid) && trace[j].version < AIS_BID_MASK
  {
    RunIds(trace, ops, i);
    RunVersions(trace, ops, i, j);
    RunVersions(trace, ops, j, j + 1);
    BornLater(trace[i], trace[j], b, trace[i].buckets[b].bid);
  }
}
