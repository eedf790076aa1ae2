/** The cluster map as code: a clone is changed in place and then published (ais/clustermap.go and
    the hooks in ais/prxclu.go, ais/kalive.go, ais/proxy.go, ais/vote.go, ais/prxtxn.go). */
module SmapOwners {
  import opened Common
  import opened Smaps

  function SetIC(m: Smap, p: NodeId, on: bool): Smap
    requires p in m.pmap
  {
    m.(pmap := m.pmap[p := m.pmap[p].(ic := on)], version := m.version + 1)
  }

  lemma SetICIs(m: Smap, p: NodeId, on: bool)
    requires p in m.pmap
    ensures ICOf(SetIC(m, p, on).pmap) == if on then ICOf(m.pmap) + {p} else ICOf(m.pmap) - {p}
    ensures Electable(SetIC(m, p, on).pmap) == Electable(m.pmap)
  {
  }

  lemma OnlyICSame(m: Smap)
    ensures OnlyIC(m, m)
  {
    assert ICOf(m.pmap) - ICOf(m.pmap) == {};
  }

  lemma OnlyICAdd(m: Smap, n: Smap, p: NodeId)
    requires OnlyIC(m, n) && ICOf(m.pmap) <= ICOf(n.pmap) && p in n.pmap && p !in ICOf(n.pmap)
    ensures OnlyIC(m, SetIC(n, p, true))
  {
    SetICIs(n, p, true);
    var a, b, c := ICOf(m.pmap), ICOf(n.pmap), ICOf(n.pmap) + {p};
    assert c - a == (b - a) + {p} && a - b == {} && a - c == {};
  }

  lemma OnlyICDrop(m: Smap, n: Smap, p: NodeId)
    requires OnlyIC(m, n) && ICOf(m.pmap) <= ICOf(n.pmap) && p in ICOf(m.pmap)
    ensures OnlyIC(m, SetIC(n, p, false))
  {
    SetICIs(n, p, false);
    var a, b, c := ICOf(m.pmap), ICOf(n.pmap), ICOf(n.pmap) - {p};
    assert c - a == b - a && a - b == {} && a - c == {p};
  }

  /** Adding electable members to `ic`. */
  ghost predicate Filling(m: Smap, ic: set<NodeId>, n: Smap) {
    && Disjoint(n) && OnlyIC(m, n) && Electable(n.pmap) == Electable(m.pmap)
    && ICOf(m.pmap) <= ic <= ICOf(n.pmap) <= ic + Electable(m.pmap)
  }

  lemma FillingStart(m: Smap, n: Smap)
    requires Disjoint(n) && OnlyIC(m, n) && ICOf(m.pmap) <= ICOf(n.pmap)
    ensures Filling(m, ICOf(n.pmap), n)
  {
  }

  function JoinIC(n: Smap, p: NodeId): Smap
    requires p in n.pmap
  {
    if p in ICOf(n.pmap) then n else SetIC(n, p, true)
  }

  lemma FillStep(m: Smap, ic: set<NodeId>, n: Smap, p: NodeId)
    requires Filling(m, ic, n) && p in Electable(n.pmap)
    ensures Filling(m, ic, JoinIC(n, p)) && ICOf(JoinIC(n, p).pmap) == ICOf(n.pmap) + {p}
    ensures |ICOf(JoinIC(n, p).pmap)| <= |ICOf(n.pmap)| + 1
  {
    if p !in ICOf(n.pmap) {
      OnlyICAdd(m, n, p);
      SetICIs(n, p, true);
    }
  }

  ghost predicate Filled(m: Smap, ic: set<NodeId>, n: Smap) {
    Filling(m, ic, n) && |ICOf(n.pmap)| == Min(IC_SIZE, |ic + Electable(m.pmap)|)
  }

  lemma FillEnds(m: Smap, ic: set<NodeId>, n: Smap)
    requires Filling(m, ic, n) && |ICOf(n.pmap)| <= IC_SIZE
    requires |ICOf(n.pmap)| == IC_SIZE || Electable(m.pmap) <= ICOf(n.pmap)
    ensures Filled(m, ic, n)
  {
    SubsetSize(ICOf(n.pmap), ic + Electable(m.pmap));
    if Electable(m.pmap) <= ICOf(n.pmap) {
      assert ICOf(n.pmap) == ic + Electable(m.pmap);
    }
  }

  lemma PrimaryJoins(m: Smap)
    requires m.primary in m.pmap && Disjoint(m)
    ensures var n := JoinIC(m, m.primary);
            OnlyIC(m, n) && Disjoint(n) && ICOf(n.pmap) == WithPrimary(m) && n.primary == m.primary
  {
    OnlyICSame(m);
    if m.primary !in ICOf(m.pmap) {
      OnlyICAdd(m, m, m.primary);
      SetICIs(m, m.primary, true);
    } else {
      assert WithPrimary(m) == ICOf(m.pmap);
    }
  }

  class SmapX {
    var tmap: NodeMap
    var pmap: NodeMap
    var primary: NodeId
    var version: nat

    function View(): Smap
      reads this
    {
      Smap(tmap, pmap, primary, version)
    }

    /** A clone of the published map. */
    constructor (m: Smap)
      ensures View() == m
    {
      tmap, pmap, primary, version := m.tmap, m.pmap, m.primary, m.version;
    }

    /** Fails (fatally) if the ID is taken. */
    method AddNode(kind: Kind, id: NodeId, flags: Flags) returns (ok: bool)
      modifies this
      ensures ok == !ContainsId(old(View()), id)
      ensures View() == if ok then Put(old(View()), kind, id, flags) else old(View())
    {
      ok := id !in tmap && id !in pmap;
      if ok {
        if kind == Proxy {
          pmap := pmap[id := flags];
        } else {
          tmap := tmap[id := flags];
        }
        version := version + 1;
      }
    }

    method DelProxy(id: NodeId) returns (ok: bool)
      requires Disjoint(View())
      modifies this
      ensures ok == (id in old(pmap)) && View() == if ok then Del(old(View()), id) else old(View())
    {
      ok := id in pmap;
      if ok {
        assert tmap - {id} == tmap;
        pmap := pmap - {id};
        version := version + 1;
      }
    }

    method DelTarget(id: NodeId) returns (ok: bool)
      requires Disjoint(View())
      modifies this
      ensures ok == (id in old(tmap)) && View() == if ok then Del(old(View()), id) else old(View())
    {
      ok := id in tmap;
      if ok {
        assert pmap - {id} == pmap;
        tmap := tmap - {id};
        version := version + 1;
      }
    }

    /** Replaces a node of the same kind; fails if the ID is one of the other kind. */
    method PutNode(kind: Kind, id: NodeId, flags: Flags) returns (ok: bool)
      requires Disjoint(View())
      modifies this
      ensures ok == if kind == Proxy then id !in old(tmap) else id !in old(pmap)
      ensures ok ==> View() == Put(old(View()), kind, id, flags)
    {
      ok := true;
      if kind == Proxy && id in pmap {
        ok := DelProxy(id);
      } else if kind == Target && id in tmap {
        ok := DelTarget(id);
      }
      ok := AddNode(kind, id, flags);
      assert kind == Proxy ==> old(pmap) - {id} + map[id := flags] == old(pmap)[id := flags];
    }

    /** Fails if there is no such node. */
    method SetNodeFlags(sid: NodeId, flags: Flags) returns (ok: bool)
      modifies this
      ensures ok == ContainsId(old(View()), sid)
      ensures View() == if ok then SetFlags(old(View()), sid, flags) else old(View())
    {
      ok := sid in tmap || sid in pmap;
      if !ok {
        return;
      }
      var was := if sid in tmap then tmap[sid] else pmap[sid];
      var now := Flags(was.nonElectable || flags.nonElectable, was.ic || flags.ic, was.maint || flags.maint, was.decomm || flags.decomm);
      if flags.maint || flags.decomm {
        now := now.(ic := false);
      }
      if sid in tmap {
        tmap := tmap[sid := now];
      } else {
        pmap := pmap[sid := now];
      }
      version := version + 1;
    }

    // ---------------------------------------------------------------- IC

    method AddIC(p: NodeId)
      requires Disjoint(View()) && p in pmap
      modifies this
      ensures View() == JoinIC(old(View()), p)
    {
      if !pmap[p].ic {
        var _ := SetNodeFlags(p, Flags(false, true, false, false));
      }
    }

    /** Adds electable proxies, in any order, while there are too few members. */
    method FillIC(ghost m: Smap)
      requires Disjoint(View()) && OnlyIC(m, View()) && ICOf(m.pmap) <= ICOf(pmap)
      modifies this
      ensures Filling(m, ICOf(old(pmap)), View())
      ensures if |ICOf(old(pmap))| >= IC_SIZE then View() == old(View()) else Filled(m, ICOf(old(pmap)), View())
    {
      FillingStart(m, View());
      if |ICOf(pmap)| >= IC_SIZE {
        return;
      }
      ghost var ic := ICOf(pmap);
      var todo := pmap.Keys;
      while todo != {}
        invariant Filling(m, ic, View()) && todo <= pmap.Keys
        invariant |ICOf(pmap)| < IC_SIZE && Electable(m.pmap) <= ICOf(pmap) + todo
      {
        var p :| p in todo;
        todo := todo - {p};
        if pmap[p].nonElectable {
          continue;
        }
        FillStep(m, ic, View(), p);
        AddIC(p);
        if |ICOf(pmap)| >= IC_SIZE {
          break;
        }
      }
      FillEnds(m, ic, View());
    }

    /** Takes out one member, not the primary, if there are too many. */
    method EvictIC(ghost m: Smap)
      requires Disjoint(View()) && primary in ICOf(pmap) && OnlyIC(m, View()) && ICOf(m.pmap) <= ICOf(pmap)
      requires |ICOf(pmap)| > IC_SIZE ==> ICOf(pmap) == WithPrimary(m)
      modifies this
      ensures OnlyIC(m, View()) && primary in ICOf(pmap) && ICOf(pmap) <= ICOf(old(pmap))
      ensures |ICOf(old(pmap))| <= IC_SIZE ==> View() == old(View())
      ensures |ICOf(old(pmap))| > IC_SIZE ==> |ICOf(pmap)| == |ICOf(old(pmap))| - 1
    {
      if |ICOf(pmap)| <= IC_SIZE {
        return;
      }
      var todo := pmap.Keys;
      while todo != {}
        invariant todo <= pmap.Keys && View() == old(View())
        invariant ICOf(pmap) <= todo + {primary}
      {
        var p :| p in todo;
        todo := todo - {p};
        if p != primary && pmap[p].ic {
          OnlyICDrop(m, View(), p);
          SetICIs(View(), p, false);
          pmap, version := pmap[p := pmap[p].(ic := false)], version + 1;
          return;
        }
      }
      SubsetSize(ICOf(pmap), {primary});
    }

    /** Fails if the primary is not in the map. */
    method StaffIC() returns (ok: bool)
      requires Disjoint(View())
      modifies this
      ensures ok == (old(primary) in old(pmap))
      ensures ok ==> Staffed(old(View()), View())
    {
      ok := primary in pmap;
      if !ok {
        return;
      }
      ghost var m := View();
      PrimaryJoins(m);
      AddIC(primary);
      FillIC(m);
      SubsetSize(WithPrimary(m), WithPrimary(m) + Electable(m.pmap));
      EvictIC(m);
    }

    // ---------------------------------------------------------------- hooks

    method UpdPre(self: NodeId, kind: Kind, id: NodeId, flags: Flags) returns (ok: bool)
      requires Disjoint(View())
      modifies this
      ensures ok == CanHook(self, Join(kind, id, flags), old(View()))
      ensures ok ==> Hooked(self, Join(kind, id, flags), old(View()), View())
    {
      ok := false;
      if !IsPrimary(View(), self) {
        return;
      }
      ok := PutNode(kind, id, flags);
      if ok {
        ok := StaffIC();
      }
    }

    method UnregNodePre(self: NodeId, sid: NodeId, started: bool, ready: bool) returns (ok: bool)
      requires Disjoint(View())
      modifies this
      ensures ok == CanHook(self, Unreg(sid, started, ready), old(View()))
      ensures ok ==> Hooked(self, Unreg(sid, started, ready), old(View()), View())
    {
      ok := false;
      if !IsPrimary(View(), self) || !ContainsId(View(), sid) {
        return;
      }
      if !started {
        return true;
      }
      if sid in pmap {
        ok := DelProxy(sid);
      } else {
        if !ready {
          return;
        }
        ok := DelTarget(sid);
      }
      ok := StaffIC();
    }

    method MarkMaint(self: NodeId, sid: NodeId, flags: Flags) returns (ok: bool)
      requires Disjoint(View())
      modifies this
      ensures ok == CanHook(self, Maint(sid, flags), old(View()))
      ensures ok ==> Hooked(self, Maint(sid, flags), old(View()), View())
    {
      ok := false;
      if !IsPrimary(View(), self) {
        return;
      }
      ok := SetNodeFlags(sid, flags);
      if ok {
        ok := StaffIC();
      }
    }

    method BecomePre(self: NodeId, sid: NodeId) returns (ok: bool)
      requires Disjoint(View())
      modifies this
      ensures ok == CanHook(self, Become(sid), old(View()))
      ensures ok ==> Hooked(self, Become(sid), old(View()), View())
    {
      ok := self in pmap;
      if !ok {
        return;
      }
      if sid != "" && ContainsId(View(), sid) {
        ok := DelProxy(sid);
        if !ok {
          return;
        }
      }
      if self !in pmap {
        return false;
      }
      primary := self;
      version := version + 100;
      ok := StaffIC();
    }

    method VotedPrimary(self: NodeId, nid: NodeId, sid: NodeId) returns (ok: bool)
      requires Disjoint(View())
      modifies this
      ensures ok == CanHook(self, Voted(nid, sid), old(View()))
      ensures ok ==> Hooked(self, Voted(nid, sid), old(View()), View())
    {
      ok := nid in pmap;
      if !ok {
        return;
      }
      primary := nid;
      if sid != "" && sid in pmap {
        var _ := DelProxy(sid);
      }
    }

    /** Removes the nodes that have stopped responding. */
    method KeepalivePre(self: NodeId, ids: seq<NodeId>) returns (ok: bool)
      requires Disjoint(View())
      modifies this
      ensures ok == CanHook(self, Keepalive(ids), old(View()))
      ensures ok ==> Hooked(self, Keepalive(ids), old(View()), View())
    {
      ok := false;
      if !IsPrimary(View(), self) {
        return;
      }
      ghost var m, ms := View(), [View()];
      var cnt := 0;
      for i := 0 to |ids|
        invariant !ok && Shrunk(m, View()) && m.primary !in ids[..i]
        invariant RemovedAll(ms, ids[..i]) && ms[0] == m && ms[i] == View()
        invariant cnt > 0 <==> exists j :: 0 <= j < i && ContainsId(m, ids[j])
        invariant cnt == 0 ==> View() == m
      {
        var removed, alive := RemoveOne(ids[i]);
        if !alive {
          return;
        }
        cnt := if removed then cnt + 1 else cnt;
        RemovedMore(ms, ids[..i], ids[i], View());
        ms := ms + [View()];
        assert ids[..i + 1] == ids[..i] + [ids[i]];
      }
      assert ids[..|ids|] == ids;
      ok := cnt > 0;
    }

    /** `alive` is false if the primary itself was to be removed. */
    method RemoveOne(id: NodeId) returns (removed: bool, alive: bool)
      requires Disjoint(View()) && primary in pmap
      modifies this
      ensures alive == (id != old(primary)) && removed == ContainsId(old(View()), id)
      ensures alive ==> RemovedOne(old(View()), id, View()) && Shrunk(old(View()), View())
    {
      removed, alive := true, true;
      if id in pmap {
        var _ := DelProxy(id);
        alive := StaffIC();
      } else if id in tmap {
        var _ := DelTarget(id);
      } else {
        removed := false;
      }
    }
  }

  /** `n` has fewer nodes. */
  ghost predicate Shrunk(m: Smap, n: Smap) {
    && Disjoint(n) && n.primary == m.primary && n.primary in n.pmap
    && n.tmap.Keys + n.pmap.Keys <= m.tmap.Keys + m.pmap.Keys
  }

  lemma RemovedMore(ms: seq<Smap>, ids: seq<NodeId>, id: NodeId, n: Smap)
    requires RemovedAll(ms, ids) && RemovedOne(ms[|ids|], id, n)
    ensures RemovedAll(ms + [n], ids + [id])
  {
  }

  /** When a step goes through. */
  ghost predicate CanHook(self: NodeId, h: Hook, m: Smap) {
    match h
    case Join(kind, id, flags) => IsPrimary(m, self) && (if kind == Proxy then id !in m.tmap else id !in m.pmap)
    case Unreg(sid, started, ready) =>
      IsPrimary(m, self) && ContainsId(m, sid) && (!started || (sid != m.primary && (sid in m.tmap ==> ready)))
    case Keepalive(ids) => IsPrimary(m, self) && m.primary !in ids && SomeRemoved(m, ids)
    case Maint(sid, flags) => IsPrimary(m, self) && ContainsId(m, sid)
    case Become(sid) => self in m.pmap && (sid == "" || !ContainsId(m, sid) || (sid in m.pmap && sid != self))
    case Voted(nid, sid) => nid in m.pmap
  }

  class SmapOwner {
    const self: NodeId
    var smap: Smap  // published

    constructor (self: NodeId, smap: Smap)
      ensures this.self == self && this.smap == smap
    {
      this.self, this.smap := self, smap;
    }

    /** A step goes through if and only if its hook accepts and the clone can be persisted; otherwise
        the published map stays. */
    method Modify(h: Hook, persists: bool) returns (ok: bool)
      requires Disjoint(smap)
      modifies this
      ensures ok == (CanHook(self, h, old(smap)) && persists)
      ensures if ok then Hooked(self, h, old(smap), smap) else smap == old(smap)
    {
      var clone := new SmapX(smap);
      match h {
        case Join(kind, id, flags) => ok := clone.UpdPre(self, kind, id, flags);
        case Unreg(sid, started, ready) => ok := clone.UnregNodePre(self, sid, started, ready);
        case Keepalive(ids) => ok := clone.KeepalivePre(self, ids);
        case Maint(sid, flags) => ok := clone.MarkMaint(self, sid, flags);
        case Become(sid) => ok := clone.BecomePre(self, sid);
        case Voted(nid, sid) => ok := clone.VotedPrimary(self, nid, sid);
      }
      ok := ok && persists;
      if ok {
        smap := clone.View();
      }
    }

    /** Takes a map from the primary; `valid`: it has a UUID. */
    method Synchronize(incoming: Smap, valid: bool, persists: bool) returns (ok: bool)
      modifies this
      ensures smap == if valid && incoming.primary in incoming.pmap && persists then Synced(old(smap), incoming) else old(smap)
      ensures ok == (valid && incoming.version != 0 && incoming.primary in incoming.pmap
                     && (incoming.version == old(smap).version || (incoming.version > old(smap).version && persists)))
    {
      ok := valid && incoming.version != 0 && incoming.primary in incoming.pmap;
      if !ok {
        return;
      }
      if incoming.version <= smap.version {
        ok := incoming.version == smap.version;
        return;
      }
      ok := persists;
      if ok {
        smap := incoming;
      }
    }
  }
}
