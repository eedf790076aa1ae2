/** Which bucket metadata a cluster goes by when its nodes come with different ones (resolveUUIDBMD in
    ais/proxy.go). */
module ResolveBmd {

  type NodeId = string
  type Uuid = string

  datatype Meta = Meta(uuid: Uuid, version: nat, contents: string)

  /** `differ`: there were other UUIDs, in the minority. */
  datatype Resolved = NoBmd | Split | Found(bmd: Meta, differ: bool)

  /** Nodes of `among` that come with a UUID; version zero does not count. */
  function Group(bmds: map<NodeId, Meta>, among: set<NodeId>, u: Uuid): set<NodeId> {
    set n | n in among && n in bmds && bmds[n].version != 0 && bmds[n].uuid == u
  }

  function Size(bmds: map<NodeId, Meta>, u: Uuid): nat {
    |Group(bmds, bmds.Keys, u)|
  }

  /** No group is larger. */
  ghost predicate Largest(bmds: map<NodeId, Meta>, u: Uuid) {
    Size(bmds, u) > 0 && forall v :: Size(bmds, v) <= Size(bmds, u)
  }

  /** The result, whatever the order of iteration: no metadata if all versions are zero; a split if
      the largest group is not unique; otherwise metadata of the largest group, of its highest
      version. */
  ghost predicate Resolves(bmds: map<NodeId, Meta>, r: Resolved) {
    match r
    case NoBmd => forall u :: Size(bmds, u) == 0
    case Split => exists u, v :: u != v && Largest(bmds, u) && Largest(bmds, v)
    case Found(bmd, differ) =>
      && (forall v :: v != bmd.uuid ==> Size(bmds, v) < Size(bmds, bmd.uuid))
      && (exists n :: n in Group(bmds, bmds.Keys, bmd.uuid) && bmds[n] == bmd)
      && (forall n :: n in Group(bmds, bmds.Keys, bmd.uuid) ==> bmds[n].version <= bmd.version)
      && (differ <==> exists v :: v != bmd.uuid && Size(bmds, v) > 0)
  }

  /** Each kind of result comes if and only if the groups call for it. */
  lemma ResolvedKind(bmds: map<NodeId, Meta>, r: Resolved)
    requires Resolves(bmds, r)
    ensures r.NoBmd? <==> forall u :: Size(bmds, u) == 0
    ensures r.Split? <==> exists u, v :: u != v && Largest(bmds, u) && Largest(bmds, v)
    ensures r.Found? ==> Largest(bmds, r.bmd.uuid) && forall v :: Largest(bmds, v) ==> v == r.bmd.uuid
  {
    match r
    case NoBmd =>
    case Split =>
      var u, v :| u != v && Largest(bmds, u) && Largest(bmds, v);
    case Found(bmd, _) =>
      var n :| n in Group(bmds, bmds.Keys, bmd.uuid) && bmds[n] == bmd;
      assert Size(bmds, bmd.uuid) > 0;
  }

  /** Two results for the same metadata agree on everything but contents of equal version. */
  lemma ResolvedOnce(bmds: map<NodeId, Meta>, r: Resolved, s: Resolved)
    requires Resolves(bmds, r) && Resolves(bmds, s)
    ensures (r.NoBmd? <==> s.NoBmd?) && (r.Split? <==> s.Split?) && (r.Found? <==> s.Found?)
    ensures r.Found? ==> r.bmd.uuid == s.bmd.uuid && r.bmd.version == s.bmd.version && r.differ == s.differ
  {
    ResolvedKind(bmds, r);
    ResolvedKind(bmds, s);
    if r.Found? {
      var n :| n in Group(bmds, bmds.Keys, r.bmd.uuid) && bmds[n] == r.bmd;
      var o :| o in Group(bmds, bmds.Keys, s.bmd.uuid) && bmds[o] == s.bmd;
    }
  }

  method ResolveUuidBmd(bmds: map<NodeId, Meta>) returns (r: Resolved)
    ensures Resolves(bmds, r)
  {
    var mlist, maxor := Collect(bmds);
    KeysAgree(bmds, mlist, maxor);
    if maxor == map[] {
      SizeIsLength(bmds, mlist);
      return NoBmd;
    }
    var uuid := MaxGroup(bmds, mlist);
    var tied := Tied(bmds, mlist, uuid);
    if tied {
      return Split;
    }
    FoundResolves(bmds, mlist, maxor, uuid);
    r := Found(maxor[uuid], |mlist| > 1);
  }

  /** Whether another group is as large. */
  method Tied(ghost bmds: map<NodeId, Meta>, mlist: map<Uuid, seq<NodeId>>, uuid: Uuid) returns (tied: bool)
    requires Lists(bmds, bmds.Keys, mlist) && uuid in mlist && Largest(bmds, uuid)
    ensures tied ==> exists v :: v != uuid && Largest(bmds, v)
    ensures !tied ==> forall v :: v != uuid ==> Size(bmds, v) < Size(bmds, uuid)
  {
    SizeIsLength(bmds, mlist);
    var todo := mlist.Keys;
    while todo != {}
      invariant todo <= mlist.Keys && forall v :: v in mlist && v !in todo && v != uuid ==> |mlist[v]| != |mlist[uuid]|
    {
      var v :| v in todo;
      todo := todo - {v};
      if |mlist[v]| == |mlist[uuid]| && v != uuid {
        assert Largest(bmds, v);
        return true;
      }
    }
    return false;
  }

  lemma KeysAgree(bmds: map<NodeId, Meta>, mlist: map<Uuid, seq<NodeId>>, maxor: map<Uuid, Meta>)
    requires Lists(bmds, bmds.Keys, mlist) && Maxima(bmds, bmds.Keys, maxor)
    ensures mlist.Keys == maxor.Keys
  {
    forall u ensures u in mlist <==> u in maxor {
      assert ListOk(bmds, bmds.Keys, mlist, u);
    }
  }

  lemma FoundResolves(bmds: map<NodeId, Meta>, mlist: map<Uuid, seq<NodeId>>, maxor: map<Uuid, Meta>, uuid: Uuid)
    requires Lists(bmds, bmds.Keys, mlist) && Maxima(bmds, bmds.Keys, maxor) && uuid in maxor && uuid in mlist
    requires forall v :: v != uuid ==> Size(bmds, v) < Size(bmds, uuid)
    ensures Resolves(bmds, Found(maxor[uuid], |mlist| > 1))
  {
    SizeIsLength(bmds, mlist);
    Differ(mlist, uuid);
  }

  ghost predicate ListOk(bmds: map<NodeId, Meta>, among: set<NodeId>, mlist: map<Uuid, seq<NodeId>>, u: Uuid) {
    |Group(bmds, among, u)| == if u in mlist then |mlist[u]| else 0
  }

  ghost predicate Lists(bmds: map<NodeId, Meta>, among: set<NodeId>, mlist: map<Uuid, seq<NodeId>>) {
    (forall u :: ListOk(bmds, among, mlist, u)) && (forall u :: u in mlist ==> mlist[u] != [])
  }

  ghost predicate Maxima(bmds: map<NodeId, Meta>, among: set<NodeId>, maxor: map<Uuid, Meta>) {
    && (forall u :: u in maxor <==> Group(bmds, among, u) != {})
    && (forall u :: u in maxor ==>
          && maxor[u].uuid == u
          && (exists n :: n in Group(bmds, among, u) && bmds[n] == maxor[u])
          && (forall n :: n in Group(bmds, among, u) ==> bmds[n].version <= maxor[u].version))
  }

  lemma SizeIsLength(bmds: map<NodeId, Meta>, mlist: map<Uuid, seq<NodeId>>)
    requires Lists(bmds, bmds.Keys, mlist)
    ensures forall u :: Size(bmds, u) == if u in mlist then |mlist[u]| else 0
    ensures forall u :: u in mlist <==> Size(bmds, u) > 0
  {
    forall u ensures Size(bmds, u) == if u in mlist then |mlist[u]| else 0 {
      assert ListOk(bmds, bmds.Keys, mlist, u);
    }
  }

  lemma GroupNext(bmds: map<NodeId, Meta>, among: set<NodeId>, n: NodeId, u: Uuid)
    requires n in bmds && n !in among
    ensures Group(bmds, among + {n}, u) == Group(bmds, among, u) + if bmds[n].version != 0 && bmds[n].uuid == u then {n} else {}
    ensures n !in Group(bmds, among, u)
  {
  }

  method Collect(bmds: map<NodeId, Meta>) returns (mlist: map<Uuid, seq<NodeId>>, maxor: map<Uuid, Meta>)
    ensures Lists(bmds, bmds.Keys, mlist) && Maxima(bmds, bmds.Keys, maxor)
  {
    mlist, maxor := map[], map[];
    var todo := bmds.Keys;
    ghost var done: set<NodeId> := {};
    while todo != {}
      invariant todo !! done && todo + done == bmds.Keys
      invariant Lists(bmds, done, mlist) && Maxima(bmds, done, maxor)
    {
      var n :| n in todo;
      var bmd := bmds[n];
      if bmd.version != 0 {
        NextLists(bmds, done, mlist, n);
        NextMaxima(bmds, done, maxor, n);
        mlist := mlist[bmd.uuid := (if bmd.uuid in mlist then mlist[bmd.uuid] else []) + [n]];
        if bmd.uuid !in maxor || maxor[bmd.uuid].version < bmd.version {
          maxor := maxor[bmd.uuid := bmd];
        }
      } else {
        NoVersion(bmds, done, mlist, maxor, n);
      }
      todo, done := todo - {n}, done + {n};
    }
    assert done == bmds.Keys;
  }

  lemma NoVersion(bmds: map<NodeId, Meta>, done: set<NodeId>, mlist: map<Uuid, seq<NodeId>>, maxor: map<Uuid, Meta>, n: NodeId)
    requires n in bmds && n !in done && bmds[n].version == 0 && Lists(bmds, done, mlist) && Maxima(bmds, done, maxor)
    ensures Lists(bmds, done + {n}, mlist) && Maxima(bmds, done + {n}, maxor)
  {
    forall u ensures Group(bmds, done + {n}, u) == Group(bmds, done, u) {
      GroupNext(bmds, done, n, u);
    }
    forall u ensures ListOk(bmds, done + {n}, mlist, u) {
      assert ListOk(bmds, done, mlist, u);
    }
  }

  lemma NextLists(bmds: map<NodeId, Meta>, done: set<NodeId>, mlist: map<Uuid, seq<NodeId>>, n: NodeId)
    requires n in bmds && n !in done && bmds[n].version != 0 && Lists(bmds, done, mlist)
    ensures var u := bmds[n].uuid;
            Lists(bmds, done + {n}, mlist[u := (if u in mlist then mlist[u] else []) + [n]])
  {
    var u := bmds[n].uuid;
    var next := mlist[u := (if u in mlist then mlist[u] else []) + [n]];
    forall v ensures ListOk(bmds, done + {n}, next, v) {
      assert ListOk(bmds, done, mlist, v);
      GroupNext(bmds, done, n, v);
      assert v != u ==> Group(bmds, done + {n}, v) == Group(bmds, done, v);
    }
  }

  lemma NextMaxima(bmds: map<NodeId, Meta>, done: set<NodeId>, maxor: map<Uuid, Meta>, n: NodeId)
    requires n in bmds && n !in done && bmds[n].version != 0 && Maxima(bmds, done, maxor)
    ensures var u := bmds[n].uuid;
            Maxima(bmds, done + {n}, if u !in maxor || maxor[u].version < bmds[n].version then maxor[u := bmds[n]] else maxor)
  {
    forall u ensures Group(bmds, done + {n}, u) == Group(bmds, done, u) + if bmds[n].uuid == u then {n} else {} {
      GroupNext(bmds, done, n, u);
    }
  }

  method MaxGroup(ghost bmds: map<NodeId, Meta>, mlist: map<Uuid, seq<NodeId>>) returns (uuid: Uuid)
    requires Lists(bmds, bmds.Keys, mlist) && mlist != map[]
    ensures uuid in mlist && Largest(bmds, uuid)
  {
    SizeIsLength(bmds, mlist);
    var l := 0;
    uuid := "";
    var todo := mlist.Keys;
    while todo != {}
      invariant todo <= mlist.Keys
      invariant l == 0 ==> todo == mlist.Keys
      invariant l > 0 ==> uuid in mlist && l == |mlist[uuid]|
      invariant forall u :: u in mlist && u !in todo ==> |mlist[u]| <= l
    {
      var u :| u in todo;
      todo := todo - {u};
      if l < |mlist[u]| {
        uuid, l := u, |mlist[u]|;
      }
    }
  }

  lemma Differ(mlist: map<Uuid, seq<NodeId>>, uuid: Uuid)
    requires uuid in mlist
    ensures |mlist| > 1 <==> exists v :: v in mlist && v != uuid
  {
    assert |mlist| == |mlist.Keys|;
    if v :| v in mlist && v != uuid {
      assert {uuid, v} <= mlist.Keys;
      assert |mlist.Keys| == |mlist.Keys - {uuid, v}| + |{uuid, v}|;
    } else {
      assert mlist.Keys == {uuid};
    }
  }
}
