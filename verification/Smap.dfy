/** The cluster map: membership, IC staffing, and the steps that change it (ais/clustermap.go). */
module Smaps {
  import opened Common

  type NodeId = string

  datatype Flags = Flags(nonElectable: bool, ic: bool, maint: bool, decomm: bool)

  type NodeMap = map<NodeId, Flags>

  datatype Smap = Smap(tmap: NodeMap, pmap: NodeMap, primary: NodeId, version: nat)

  /** Desired number of IC members. */
  const IC_SIZE := 3

  /** No ID is both a target and a proxy. */
  ghost predicate Disjoint(m: Smap) {
    m.tmap.Keys !! m.pmap.Keys
  }

  ghost predicate Safe(m: Smap) {
    Disjoint(m) && m.primary in m.pmap
  }

  predicate IsPrimary(m: Smap, self: NodeId) {
    m.primary in m.pmap && m.primary == self
  }

  predicate ContainsId(m: Smap, id: NodeId) {
    id in m.tmap || id in m.pmap
  }

  // ---------------------------------------------------------------- IC

  function ICOf(pmap: NodeMap): set<NodeId> {
    set p | p in pmap && pmap[p].ic
  }

  function Electable(pmap: NodeMap): set<NodeId> {
    set p | p in pmap && !pmap[p].nonElectable
  }

  /** `n` differs from `m` only in IC flags; each flag that changes is one version. */
  ghost predicate OnlyIC(m: Smap, n: Smap) {
    && n.tmap == m.tmap && n.primary == m.primary && n.pmap.Keys == m.pmap.Keys
    && (forall p :: p in m.pmap ==> n.pmap[p] == m.pmap[p].(ic := n.pmap[p].ic))
    && n.version == m.version + |ICOf(n.pmap) - ICOf(m.pmap)| + |ICOf(m.pmap) - ICOf(n.pmap)|
  }

  /** Members that IC would have with the primary. */
  ghost function WithPrimary(m: Smap): set<NodeId> {
    ICOf(m.pmap) + {m.primary}
  }

  /** Staffing: the primary is a member; missing members come from the electable proxies, as long as
      there are any; one member too many goes, but not the primary. */
  ghost predicate Staffed(m: Smap, n: Smap) {
    && OnlyIC(m, n)
    && var before, after := WithPrimary(m), ICOf(n.pmap);
    && m.primary in after
    && (|before| <= IC_SIZE ==>
          && before <= after <= before + Electable(m.pmap)
          && |after| == Min(IC_SIZE, |before + Electable(m.pmap)|))
    && (|before| > IC_SIZE ==> after <= before && |after| == |before| - 1)
  }

  /** Staffing ends with at most three members if and only if there were at most four, counting the
      primary; and with at least three, or all electable proxies. */
  lemma StaffedSize(m: Smap, n: Smap)
    requires Staffed(m, n)
    ensures |ICOf(n.pmap)| <= IC_SIZE <==> |WithPrimary(m)| <= IC_SIZE + 1
    ensures |ICOf(m.pmap)| <= IC_SIZE ==> |ICOf(n.pmap)| <= IC_SIZE
    ensures |ICOf(n.pmap)| >= Min(IC_SIZE, |Electable(m.pmap)|)
  {
    assert |WithPrimary(m)| <= |ICOf(m.pmap)| + 1;
    SubsetSize(Electable(m.pmap), WithPrimary(m) + Electable(m.pmap));
    SubsetSize(ICOf(m.pmap), WithPrimary(m));
  }

  // ---------------------------------------------------------------- steps

  datatype Kind = Target | Proxy

  function Put(m: Smap, kind: Kind, id: NodeId, flags: Flags): Smap {
    if kind == Proxy then m.(pmap := m.pmap[id := flags], version := m.version + if id in m.pmap then 2 else 1)
    else m.(tmap := m.tmap[id := flags], version := m.version + if id in m.tmap then 2 else 1)
  }

  function Del(m: Smap, id: NodeId): Smap {
    m.(tmap := m.tmap - {id}, pmap := m.pmap - {id}, version := m.version + 1)
  }

  /** Sets flags; maintenance and decommissioning take a node out of IC. */
  function WithFlags(old_: Flags, flags: Flags): Flags {
    Flags(old_.nonElectable || flags.nonElectable,
          (old_.ic || flags.ic) && !flags.maint && !flags.decomm,
          old_.maint || flags.maint, old_.decomm || flags.decomm)
  }

  function SetFlags(m: Smap, id: NodeId, flags: Flags): Smap
    requires ContainsId(m, id)
  {
    if id in m.tmap then m.(tmap := m.tmap[id := WithFlags(m.tmap[id], flags)], version := m.version + 1)
    else m.(pmap := m.pmap[id := WithFlags(m.pmap[id], flags)], version := m.version + 1)
  }

  datatype Hook =
    | Join(kind: Kind, id: NodeId, flags: Flags)            // _updPre
    | Unreg(sid: NodeId, started: bool, ready: bool)        // _unregNodePre
    | Keepalive(ids: seq<NodeId>)                           // palive._pre
    | Maint(sid: NodeId, flags: Flags)                      // _markMaint
    | Become(sid: NodeId)                                   // _becomePre
    | Voted(nid: NodeId, sid: NodeId)                       // _votedPrimary

  /** Keepalive removes one node; IC is staffed again if it was a proxy. */
  ghost predicate RemovedOne(m: Smap, id: NodeId, n: Smap) {
    if id in m.pmap then m.primary != id && m.primary in m.pmap && Staffed(Del(m, id), n)
    else if id in m.tmap then n == Del(m, id)
    else n == m
  }

  ghost predicate RemovedAll(ms: seq<Smap>, ids: seq<NodeId>) {
    |ms| == |ids| + 1 && forall i :: 0 <= i < |ids| ==> RemovedOne(ms[i], ids[i], ms[i + 1])
  }

  ghost predicate SomeRemoved(m: Smap, ids: seq<NodeId>) {
    exists i :: 0 <= i < |ids| && ContainsId(m, ids[i])
  }

  /** What a successful step at node `self` does to the map. */
  ghost predicate Hooked(self: NodeId, h: Hook, m: Smap, n: Smap) {
    match h
    case Join(kind, id, flags) =>
      IsPrimary(m, self) && (if kind == Proxy then id !in m.tmap else id !in m.pmap) && Staffed(Put(m, kind, id, flags), n)
    case Unreg(sid, started, ready) =>
      && IsPrimary(m, self) && ContainsId(m, sid)
      && (if !started then n == m
          else sid != m.primary && (sid in m.tmap ==> ready) && Staffed(Del(m, sid), n))
    case Keepalive(ids) =>
      IsPrimary(m, self) && SomeRemoved(m, ids) && exists ms :: RemovedAll(ms, ids) && ms[0] == m && ms[|ids|] == n
    case Maint(sid, flags) =>
      IsPrimary(m, self) && ContainsId(m, sid) && Staffed(SetFlags(m, sid, flags), n)
    case Become(sid) =>
      && self in m.pmap && (sid == "" || !ContainsId(m, sid) || (sid in m.pmap && sid != self))
      && var mid := if sid != "" && ContainsId(m, sid) then Del(m, sid) else m;
      Staffed(mid.(primary := self, version := mid.version + 100), n)
    case Voted(nid, sid) =>
      nid in m.pmap && n == (if sid != "" && sid in m.pmap then Del(m, sid) else m).(primary := nid)
  }

  /** `synchronize` takes a newer map only. */
  function Synced(m: Smap, incoming: Smap): Smap {
    if incoming.version > m.version then incoming else m
  }

  // ---------------------------------------------------------------- what every step keeps

  lemma StaffedKeeps(m: Smap, n: Smap)
    requires Disjoint(m) && m.primary in m.pmap && Staffed(m, n)
    ensures Safe(n) && n.version >= m.version
  {
  }

  lemma {:induction false} RemovedAllKeeps(ms: seq<Smap>, ids: seq<NodeId>, k: nat)
    requires RemovedAll(ms, ids) && k <= |ids| && Safe(ms[0])
    ensures Safe(ms[k]) && ms[k].version >= ms[0].version && ms[k].primary == ms[0].primary
    ensures (exists i :: 0 <= i < k && ContainsId(ms[0], ids[i])) ==> ms[k].version > ms[0].version
    ensures ms[k].version == ms[0].version ==> ms[k] == ms[0]
  {
    if k > 0 {
      RemovedAllKeeps(ms, ids, k - 1);
      assert RemovedOne(ms[k - 1], ids[k - 1], ms[k]);
      RemovedOneKeeps(ms[k - 1], ids[k - 1], ms[k]);
    }
  }

  lemma RemovedOneKeeps(m: Smap, id: NodeId, n: Smap)
    requires Safe(m) && RemovedOne(m, id, n)
    ensures Safe(n) && n.primary == m.primary && if ContainsId(m, id) then n.version > m.version else n == m
  {
    if id in m.pmap {
      StaffedKeeps(Del(m, id), n);
    }
  }

  /** Every step keeps the map safe (for an election result: if and only if the new primary is not
      the old one), and its version grows, except that of an election result whose old primary is
      gone and of a removal before the start. */
  lemma HookKeeps(self: NodeId, h: Hook, m: Smap, n: Smap)
    requires Safe(m) && Hooked(self, h, m, n)
    ensures Safe(n) <==> !(h.Voted? && h.nid == h.sid && h.sid != "")
    ensures Disjoint(n) && n.version >= m.version
    ensures !h.Voted? && !(h.Unreg? && !h.started) ==> n.version > m.version
  {
    match h
    case Join(kind, id, flags) => StaffedKeeps(Put(m, kind, id, flags), n);
    case Unreg(sid, started, _) =>
      if started {
        StaffedKeeps(Del(m, sid), n);
      }
    case Keepalive(ids) =>
      var ms :| RemovedAll(ms, ids) && ms[0] == m && ms[|ids|] == n;
      RemovedAllKeeps(ms, ids, |ids|);
    case Maint(sid, flags) => StaffedKeeps(SetFlags(m, sid, flags), n);
    case Become(sid) =>
      var mid := if sid != "" && ContainsId(m, sid) then Del(m, sid) else m;
      StaffedKeeps(mid.(primary := self, version := mid.version + 100), n);
    case Voted(_, _) =>
  }
}
