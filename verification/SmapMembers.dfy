/** Who is in the cluster map, in which role, after each step and over runs (ais/clustermap.go). */
module SmapMembers {
  import opened Common
  import opened Smaps
  import opened SmapOwners

  /** The same proxies with the same flags, IC apart. */
  ghost predicate SameButIC(a: NodeMap, b: NodeMap) {
    b.Keys == a.Keys && forall p :: p in a ==> b[p] == a[p].(ic := b[p].ic)
  }

  ghost function SetOf(ids: seq<NodeId>): set<NodeId> {
    set id | id in ids
  }

  /** How many proxies enter or leave IC. */
  ghost function ICChanges(a: NodeMap, b: NodeMap): nat {
    |ICOf(b) - ICOf(a)| + |ICOf(a) - ICOf(b)|
  }

  lemma StaffedIs(m: Smap, n: Smap)
    requires Staffed(m, n)
    ensures n.tmap == m.tmap && SameButIC(m.pmap, n.pmap) && n.primary == m.primary
    ensures n.primary in n.pmap && n.pmap[n.primary].ic
    ensures n.version == m.version + ICChanges(m.pmap, n.pmap)
  {
    assert n.primary in ICOf(n.pmap);
  }

  // ---------------------------------------------------------------- what each step does

  /** A node that joins is in the map with the given flags, all others are as before, IC apart. The version
      counts the changes; a node that joins again counts as removed and added. */
  lemma JoinAdds(self: NodeId, kind: Kind, id: NodeId, flags: Flags, m: Smap, n: Smap)
    requires Safe(m) && Hooked(self, Join(kind, id, flags), m, n)
    ensures n.primary == m.primary == self && n.pmap[self].ic
    ensures kind == Target ==> n.tmap == m.tmap[id := flags] && SameButIC(m.pmap, n.pmap) && id !in m.pmap
    ensures kind == Proxy ==> n.tmap == m.tmap && SameButIC(m.pmap[id := flags], n.pmap) && id !in m.tmap
    ensures var pmap := if kind == Proxy then m.pmap[id := flags] else m.pmap;
            n.version == m.version + (if ContainsId(m, id) then 2 else 1) + ICChanges(pmap, n.pmap)
  {
    StaffedIs(Put(m, kind, id, flags), n);
  }

  /** A node that is removed is gone, all others are as before, IC apart. */
  lemma UnregRemoves(self: NodeId, sid: NodeId, started: bool, ready: bool, m: Smap, n: Smap)
    requires Safe(m) && Hooked(self, Unreg(sid, started, ready), m, n)
    ensures n.primary == m.primary == self && ContainsId(m, sid)
    ensures if started then sid != self && n.tmap == m.tmap - {sid} && SameButIC(m.pmap - {sid}, n.pmap) else n == m
    ensures started && sid in m.tmap ==> ready
    ensures started ==> n.version == m.version + 1 + ICChanges(m.pmap - {sid}, n.pmap)
  {
    if started {
      StaffedIs(Del(m, sid), n);
    }
  }

  lemma RemovedOneIs(m: Smap, id: NodeId, n: Smap)
    requires Safe(m) && RemovedOne(m, id, n)
    ensures Safe(n) && n.primary == m.primary && n.tmap == m.tmap - {id} && SameButIC(m.pmap - {id}, n.pmap)
  {
    RemovedOneKeeps(m, id, n);
    if id in m.pmap {
      StaffedIs(Del(m, id), n);
    } else {
      assert m.pmap - {id} == m.pmap;
      assert id !in m.tmap ==> m.tmap - {id} == m.tmap;
    }
  }

  lemma {:induction false} RemovedAllIs(ms: seq<Smap>, ids: seq<NodeId>, k: nat)
    requires RemovedAll(ms, ids) && k <= |ids| && Safe(ms[0])
    ensures Safe(ms[k]) && ms[k].primary == ms[0].primary
    ensures ms[k].tmap == ms[0].tmap - SetOf(ids[..k]) && SameButIC(ms[0].pmap - SetOf(ids[..k]), ms[k].pmap)
  {
    if k == 0 {
      assert SetOf(ids[..0]) == {};
      assert ms[0].tmap - {} == ms[0].tmap && ms[0].pmap - {} == ms[0].pmap;
    } else {
      RemovedAllIs(ms, ids, k - 1);
      assert RemovedOne(ms[k - 1], ids[k - 1], ms[k]);
      RemovedOneIs(ms[k - 1], ids[k - 1], ms[k]);
      assert ids[..k] == ids[..k - 1] + [ids[k - 1]];
      assert SetOf(ids[..k]) == SetOf(ids[..k - 1]) + {ids[k - 1]};
      assert ms[0].tmap - SetOf(ids[..k]) == (ms[0].tmap - SetOf(ids[..k - 1])) - {ids[k - 1]};
    }
  }

  /** Keepalive removes exactly the nodes of its list. */
  lemma KeepaliveRemoves(self: NodeId, ids: seq<NodeId>, m: Smap, n: Smap)
    requires Safe(m) && Hooked(self, Keepalive(ids), m, n)
    ensures n.primary == m.primary == self && self !in SetOf(ids)
    ensures n.tmap == m.tmap - SetOf(ids) && SameButIC(m.pmap - SetOf(ids), n.pmap)
  {
    var ms :| RemovedAll(ms, ids) && ms[0] == m && ms[|ids|] == n;
    RemovedAllIs(ms, ids, |ids|);
    assert ids[..|ids|] == ids;
  }

  /** The flags of a node after maintenance or decommissioning was set. */
  ghost predicate Marked(was: Flags, flags: Flags, now: Flags) {
    && (now.nonElectable <==> was.nonElectable || flags.nonElectable)
    && (now.maint <==> was.maint || flags.maint)
    && (now.decomm <==> was.decomm || flags.decomm)
  }

  /** Maintenance sets the flags of one node and changes no other, IC apart. */
  lemma MaintMarks(self: NodeId, sid: NodeId, flags: Flags, m: Smap, n: Smap)
    requires Safe(m) && Hooked(self, Maint(sid, flags), m, n)
    ensures n.primary == m.primary == self && n.tmap.Keys == m.tmap.Keys && n.pmap.Keys == m.pmap.Keys
    ensures n.tmap - {sid} == m.tmap - {sid} && SameButIC(m.pmap - {sid}, n.pmap - {sid})
    ensures sid in m.tmap ==> Marked(m.tmap[sid], flags, n.tmap[sid])
    ensures sid in m.pmap ==> Marked(m.pmap[sid], flags, n.pmap[sid])
  {
    StaffedIs(SetFlags(m, sid, flags), n);
  }

  /** The node that becomes primary is the primary and in IC; the old one is gone. */
  lemma BecomeTakesOver(self: NodeId, sid: NodeId, m: Smap, n: Smap)
    requires Safe(m) && Hooked(self, Become(sid), m, n)
    ensures n.primary == self && self in n.pmap && n.pmap[self].ic && n.tmap == m.tmap
    ensures SameButIC(if sid == "" then m.pmap else m.pmap - {sid}, n.pmap)
    ensures n.version >= m.version + 100
  {
    var mid := if sid != "" && ContainsId(m, sid) then Del(m, sid) else m;
    WithoutOld(self, sid, m);
    StaffedIs(mid.(primary := self, version := mid.version + 100), n);
  }

  lemma WithoutOld(self: NodeId, sid: NodeId, m: Smap)
    requires Disjoint(m) && (sid == "" || !ContainsId(m, sid) || sid in m.pmap)
    ensures var mid := if sid != "" && ContainsId(m, sid) then Del(m, sid) else m;
            mid.pmap == (if sid == "" then m.pmap else m.pmap - {sid}) && mid.tmap == m.tmap
  {
    if sid != "" {
      assert m.tmap - {sid} == m.tmap;
      assert sid !in m.pmap ==> m.pmap - {sid} == m.pmap;
    }
  }

  /** An election result makes the named node primary, and removes the old one. */
  lemma VotedTakesOver(self: NodeId, nid: NodeId, sid: NodeId, m: Smap, n: Smap)
    requires Safe(m) && Hooked(self, Voted(nid, sid), m, n)
    ensures n.primary == nid && nid in m.pmap && n.tmap == m.tmap
    ensures n.pmap == if sid == "" then m.pmap else m.pmap - {sid}
  {
    if sid != "" {
      assert m.tmap - {sid} == m.tmap || sid in m.tmap;
      assert sid !in m.pmap ==> m.pmap - {sid} == m.pmap;
    }
  }

  // ---------------------------------------------------------------- IC after maintenance

  lemma {:induction false} Grow(s: set<NodeId>, all: set<NodeId>, n: nat) returns (t: set<NodeId>)
    requires s <= all && |s| <= n <= |all|
    ensures s <= t <= all && |t| == n
    decreases n - |s|
  {
    if |s| == n {
      t := s;
    } else {
      if all <= s {
        SubsetSize(all, s);
      }
      var x :| x in all && x !in s;
      t := Grow(s + {x}, all, n);
    }
  }

  /** The map with the given IC. */
  ghost function WithIC(m: Smap, ic: set<NodeId>): Smap {
    m.(pmap := map p | p in m.pmap :: m.pmap[p].(ic := p in ic),
       version := m.version + |ic - ICOf(m.pmap)| + |ICOf(m.pmap) - ic|)
  }

  lemma WithICIs(m: Smap, ic: set<NodeId>)
    requires ic <= m.pmap.Keys
    ensures ICOf(WithIC(m, ic).pmap) == ic && OnlyIC(m, WithIC(m, ic))
  {
  }

  /** If there are too few members, staffing can take any electable proxy. */
  lemma CanTake(m: Smap, want: NodeId) returns (n: Smap)
    requires m.primary in m.pmap && want in Electable(m.pmap) && |WithPrimary(m)| < IC_SIZE
    ensures Staffed(m, n) && want in ICOf(n.pmap)
  {
    var before, total := WithPrimary(m), WithPrimary(m) + Electable(m.pmap);
    SubsetSize(before + {want}, total);
    var ic := Grow(before + {want}, total, Min(IC_SIZE, |total|));
    WithICIs(m, ic);
    n := WithIC(m, ic);
  }

  /** Staffing can always be done. */
  lemma CanStaff(m: Smap) returns (n: Smap)
    requires m.primary in m.pmap
    ensures Staffed(m, n)
  {
    var before, total := WithPrimary(m), WithPrimary(m) + Electable(m.pmap);
    var ic;
    if |before| <= IC_SIZE {
      SubsetSize(before, total);
      ic := Grow(before, total, Min(IC_SIZE, |total|));
    } else {
      ic := Grow({m.primary}, before, |before| - 1);
    }
    WithICIs(m, ic);
    n := WithIC(m, ic);
  }

  /** Staffing takes in a proxy that is no member only if there are too few of them. */
  lemma TakenIn(m: Smap, n: Smap, p: NodeId)
    requires Staffed(m, n) && p in ICOf(n.pmap) && p !in WithPrimary(m)
    ensures p in Electable(m.pmap) && |WithPrimary(m)| < IC_SIZE
  {
    SubsetSize(WithPrimary(m) + {p}, ICOf(n.pmap));
  }

  /** A proxy put into maintenance leaves IC, but staffing may take it in again at once: if and only if it
      is the primary, or electable and there are fewer than three others. */
  lemma MaintInICIff(self: NodeId, sid: NodeId, flags: Flags, m: Smap)
    requires Safe(m) && IsPrimary(m, self) && sid in m.pmap && (flags.maint || flags.decomm)
    ensures (exists n :: Hooked(self, Maint(sid, flags), m, n) && sid in ICOf(n.pmap)) <==>
              sid == self || (!m.pmap[sid].nonElectable && !flags.nonElectable && |WithPrimary(m) - {sid}| < IC_SIZE)
  {
    var mid := SetFlags(m, sid, flags);
    assert sid != self ==> WithPrimary(mid) == WithPrimary(m) - {sid};
    if n :| Hooked(self, Maint(sid, flags), m, n) && sid in ICOf(n.pmap) {
      if sid != self {
        TakenIn(mid, n, sid);
      }
    }
    if sid == self {
      var n := CanStaff(mid);
      assert Hooked(self, Maint(sid, flags), m, n);
    } else if !m.pmap[sid].nonElectable && !flags.nonElectable && |WithPrimary(m) - {sid}| < IC_SIZE {
      var n := CanTake(mid, sid);
      assert Hooked(self, Maint(sid, flags), m, n);
    }
  }

  // ---------------------------------------------------------------- when steps go through

  /** Removing a list of nodes can be done if and only if the primary is not among them. */
  lemma {:induction false} CanRemoveAll(m: Smap, ids: seq<NodeId>) returns (ms: seq<Smap>)
    requires Safe(m) && m.primary !in ids
    ensures RemovedAll(ms, ids) && ms[0] == m
    decreases |ids|
  {
    if ids == [] {
      ms := [m];
    } else {
      var k := |ids| - 1;
      assert ids[k] in ids && forall id :: id in ids[..k] ==> id in ids;
      var before := CanRemoveAll(m, ids[..k]);
      RemovedAllKeeps(before, ids[..k], k);
      var last := CanRemove(before[k], ids[k]);
      ms := before + [last];
      forall i | 0 <= i < |ids| ensures RemovedOne(ms[i], ids[i], ms[i + 1]) {
        assert i < k ==> RemovedOne(before[i], ids[..k][i], before[i + 1]);
      }
    }
  }

  lemma CanRemove(m: Smap, id: NodeId) returns (n: Smap)
    requires Safe(m) && id != m.primary
    ensures RemovedOne(m, id, n)
  {
    if id in m.pmap {
      n := CanStaff(Del(m, id));
    } else if id in m.tmap {
      n := Del(m, id);
    } else {
      n := m;
    }
  }

  lemma {:induction false} PrimaryStays(ms: seq<Smap>, ids: seq<NodeId>, k: nat)
    requires RemovedAll(ms, ids) && Safe(ms[0]) && k <= |ids|
    ensures Safe(ms[k]) && ms[k].primary == ms[0].primary && ms[0].primary !in ids[..k]
  {
    RemovedAllIs(ms, ids, k);
    if k > 0 {
      PrimaryStays(ms, ids, k - 1);
      assert RemovedOne(ms[k - 1], ids[k - 1], ms[k]);
      assert ids[..k] == ids[..k - 1] + [ids[k - 1]];
    }
  }

  lemma KeepaliveGoesThrough(self: NodeId, ids: seq<NodeId>, m: Smap)
    requires Safe(m)
    ensures (exists n :: Hooked(self, Keepalive(ids), m, n)) <==> m.primary == self && self !in ids && SomeRemoved(m, ids)
  {
    if n :| Hooked(self, Keepalive(ids), m, n) {
      var ms :| RemovedAll(ms, ids) && ms[0] == m && ms[|ids|] == n;
      PrimaryStays(ms, ids, |ids|);
      assert ids[..|ids|] == ids;
    }
    if m.primary == self && self !in ids && SomeRemoved(m, ids) {
      var ms := CanRemoveAll(m, ids);
      assert Hooked(self, Keepalive(ids), m, ms[|ids|]);
    }
  }

  /** A map that a step can lead to, if the step can be done. */
  lemma Outcome(self: NodeId, h: Hook, m: Smap) returns (n: Smap)
    requires Safe(m) && !h.Keepalive? && CanHook(self, h, m)
    ensures Hooked(self, h, m, n)
  {
    match h
    case Join(kind, id, flags) => n := CanStaff(Put(m, kind, id, flags));
    case Unreg(sid, started, ready) =>
      n := m;
      if started {
        n := CanStaff(Del(m, sid));
      }
    case Maint(sid, flags) => n := CanStaff(SetFlags(m, sid, flags));
    case Become(sid) =>
      var mid := if sid != "" && ContainsId(m, sid) then Del(m, sid) else m;
      n := CanStaff(mid.(primary := self, version := mid.version + 100));
    case Voted(nid, sid) => n := (if sid != "" && sid in m.pmap then Del(m, sid) else m).(primary := nid);
  }

  /** A step of a node with a safe map goes through if and only if: for a join, it is the primary and the ID
      is not one of the other kind; for a removal, it is the primary and the node is there, and, after the
      start, it is not the primary itself, nor a target while the cluster is not ready; for keepalive, it
      is the primary, not in the list, and some node of the list is there; for maintenance, it is the
      primary and the node is there; to become primary, it is in the map as a proxy and the old primary is
      not itself nor a target; for an election result, the new primary is in the map as a proxy. */
  lemma GoesThroughIff(self: NodeId, h: Hook, m: Smap)
    requires Safe(m)
    ensures (exists n :: Hooked(self, h, m, n)) <==>
              match h
              case Join(kind, id, flags) => m.primary == self && (if kind == Proxy then id !in m.tmap else id !in m.pmap)
              case Unreg(sid, started, ready) => m.primary == self && ContainsId(m, sid) && (started ==> sid != self && (sid in m.tmap ==> ready))
              case Keepalive(ids) => m.primary == self && self !in ids && SomeRemoved(m, ids)
              case Maint(sid, flags) => m.primary == self && ContainsId(m, sid)
              case Become(sid) => self in m.pmap && (sid == "" || (sid !in m.tmap && sid != self))
              case Voted(nid, sid) => nid in m.pmap
    ensures (exists n :: Hooked(self, h, m, n)) <==> CanHook(self, h, m)
  {
    if h.Keepalive? {
      KeepaliveGoesThrough(self, h.ids, m);
    } else if CanHook(self, h, m) {
      var n := Outcome(self, h, m);
    }
  }

  // ---------------------------------------------------------------- membership over runs

  /** The step adds the node; the step removes it, if it is there. */
  ghost predicate Adds(h: Hook, id: NodeId) {
    h.Join? && h.id == id
  }

  ghost predicate Removes(m: Smap, h: Hook, id: NodeId) {
    match h
    case Join(_, _, _) => false
    case Unreg(sid, started, _) => started && sid == id
    case Keepalive(ids) => id in ids
    case Maint(_, _) => false
    case Become(sid) => sid == id && sid != ""
    case Voted(_, sid) => sid == id && sid != "" && id in m.pmap
  }

  /** What becomes of a node in a step. */
  ghost predicate MemberAfter(h: Hook, m: Smap, n: Smap, id: NodeId) {
    && (ContainsId(n, id) <==> Adds(h, id) || (ContainsId(m, id) && !Removes(m, h, id)))
    && (Adds(h, id) ==> (id in n.tmap <==> h.kind == Target))
    && (!Adds(h, id) && ContainsId(n, id) ==> (id in n.tmap <==> id in m.tmap))
  }

  lemma JoinOrLeave(self: NodeId, h: Hook, m: Smap, n: Smap, id: NodeId)
    requires Safe(m) && Hooked(self, h, m, n) && (h.Join? || h.Unreg? || h.Keepalive?)
    ensures MemberAfter(h, m, n, id)
  {
    match h
    case Join(kind, i, flags) => JoinAdds(self, kind, i, flags, m, n);
    case Unreg(sid, started, ready) => UnregRemoves(self, sid, started, ready, m, n);
    case Keepalive(ids) => KeepaliveRemoves(self, ids, m, n);
  }

  lemma MarkOrLead(self: NodeId, h: Hook, m: Smap, n: Smap, id: NodeId)
    requires Safe(m) && Hooked(self, h, m, n) && (h.Maint? || h.Become? || h.Voted?)
    ensures MemberAfter(h, m, n, id)
  {
    match h
    case Maint(sid, flags) => MaintMarks(self, sid, flags, m, n);
    case Become(sid) => BecomeTakesOver(self, sid, m, n);
    case Voted(nid, sid) => VotedTakesOver(self, nid, sid, m, n);
  }

  /** After a step, a node is in the map if and only if the step adds it, or it was there and the step does
      not remove it; and it is of the kind that it joined as. */
  lemma MemberIff(self: NodeId, h: Hook, m: Smap, n: Smap, id: NodeId)
    requires Safe(m) && Hooked(self, h, m, n)
    ensures ContainsId(n, id) <==> Adds(h, id) || (ContainsId(m, id) && !Removes(m, h, id))
    ensures Adds(h, id) ==> (id in n.tmap <==> h.kind == Target)
    ensures !Adds(h, id) && ContainsId(n, id) ==> (id in n.tmap <==> id in m.tmap)
  {
    if h.Join? || h.Unreg? || h.Keepalive? {
      JoinOrLeave(self, h, m, n, id);
    } else {
      MarkOrLead(self, h, m, n, id);
    }
  }

  /** Steps of one node, each of which goes through; election results are proper. */
  ghost predicate HookRun(self: NodeId, ms: seq<Smap>, hs: seq<Hook>) {
    && |ms| == |hs| + 1 && Safe(ms[0])
    && forall i :: 0 <= i < |hs| ==> Hooked(self, hs[i], ms[i], ms[i + 1]) && (hs[i].Voted? ==> hs[i].nid != hs[i].sid)
  }

  lemma {:induction false} HookRunSafe(self: NodeId, ms: seq<Smap>, hs: seq<Hook>, j: nat)
    requires HookRun(self, ms, hs) && j < |ms|
    ensures Safe(ms[j])
  {
    if j > 0 {
      HookRunSafe(self, ms, hs, j - 1);
      HookKeeps(self, hs[j - 1], ms[j - 1], ms[j]);
    }
  }

  /** The node is not removed from step `i` up to step `j`. */
  ghost predicate Stays(ms: seq<Smap>, hs: seq<Hook>, i: nat, j: nat, id: NodeId)
    requires j <= |hs| <= |ms|
  {
    forall k :: i <= k < j ==> !Removes(ms[k], hs[k], id)
  }

  /** In every run of such steps, a node is in the map if and only if it has joined and was not removed
      since, or was there from the start and was never removed. */
  lemma {:induction false} MembersOverRuns(self: NodeId, ms: seq<Smap>, hs: seq<Hook>, j: nat, id: NodeId)
    requires HookRun(self, ms, hs) && j < |ms|
    ensures ContainsId(ms[j], id) <==>
              (ContainsId(ms[0], id) && Stays(ms, hs, 0, j, id)) || Joined(ms, hs, j, id)
  {
    if j > 0 {
      MembersOverRuns(self, ms, hs, j - 1, id);
      HookRunSafe(self, ms, hs, j - 1);
      StepMember(self, ms, hs, j - 1, id);
      JoinedNext(ms, hs, j - 1, id);
    }
  }

  /** The node has joined before step `j`, and was not removed since. */
  ghost predicate Joined(ms: seq<Smap>, hs: seq<Hook>, j: nat, id: NodeId)
    requires j <= |hs| <= |ms|
  {
    exists i :: 0 <= i < j && Adds(hs[i], id) && Stays(ms, hs, i + 1, j, id)
  }

  lemma StaysNext(ms: seq<Smap>, hs: seq<Hook>, i: nat, j: nat, id: NodeId)
    requires i <= j < |hs| <= |ms|
    ensures Stays(ms, hs, i, j + 1, id) <==> Stays(ms, hs, i, j, id) && !Removes(ms[j], hs[j], id)
  {
  }

  lemma JoinedNext(ms: seq<Smap>, hs: seq<Hook>, j: nat, id: NodeId)
    requires j < |hs| <= |ms|
    ensures Joined(ms, hs, j + 1, id) <==> Adds(hs[j], id) || (Joined(ms, hs, j, id) && !Removes(ms[j], hs[j], id))
    ensures Stays(ms, hs, 0, j + 1, id) <==> Stays(ms, hs, 0, j, id) && !Removes(ms[j], hs[j], id)
  {
    StaysNext(ms, hs, 0, j, id);
    if Adds(hs[j], id) {
      assert Stays(ms, hs, j + 1, j + 1, id);
    }
    if i :| 0 <= i < j && Adds(hs[i], id) && Stays(ms, hs, i + 1, j, id) {
      StaysNext(ms, hs, i + 1, j, id);
    }
    if i :| 0 <= i < j + 1 && Adds(hs[i], id) && Stays(ms, hs, i + 1, j + 1, id) {
      if i < j {
        StaysNext(ms, hs, i + 1, j, id);
      }
    }
  }

  lemma StepMember(self: NodeId, ms: seq<Smap>, hs: seq<Hook>, j: nat, id: NodeId)
    requires HookRun(self, ms, hs) && j < |hs| && Safe(ms[j])
    ensures ContainsId(ms[j + 1], id) <==> Adds(hs[j], id) || (ContainsId(ms[j], id) && !Removes(ms[j], hs[j], id))
  {
    MemberIff(self, hs[j], ms[j], ms[j + 1], id);
  }
}
